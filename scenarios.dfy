/**
 * Worked cycles over small batches: the oldest-first order of a batch
 * delivered newest first, and a rate-limit abort followed by the retry in the
 * next cycle. Mentions `m1`, `m2`, `m3` come from someone other than the bot,
 * with increasing ids (101, 103, 105 or 201, 202, 203, say).
 */
module DispatchScenarios {
  import opened Wrappers
  import opened CursorStore
  import opened Mentions
  import opened Dispatch
  import opened DispatchProperties

  predicate Ascending3(botId: string, m1: Mention, m2: Mention, m3: Mention) {
    && m1.authorId != botId && m2.authorId != botId && m3.authorId != botId
    && m1.id < m2.id < m3.id
  }

  /** The successful reply call for a mention. */
  function PostedTo(template: string, userMap: map<string, string>, m: Mention): Option<Attempt> {
    Some(Attempt(ReplyFor(template, userMap, m), Posted))
  }

  /** A batch of three fetched newest first is handled oldest first. */
  lemma InTurn(m1: Mention, m2: Mention, m3: Mention)
    ensures Reversed([m3, m2, m1]) == [m1, m2, m3]
  {
    var r := Reversed([m3, m2, m1]);
    assert r[0] == m1 && r[1] == m2 && r[2] == m3;
  }

  /** A batch of two fetched newest first is handled oldest first. */
  lemma InTurnTwo(m2: Mention, m3: Mention)
    ensures Reversed([m3, m2]) == [m2, m3]
  {
    var r := Reversed([m3, m2]);
    assert r[0] == m2 && r[1] == m3;
  }

  lemma AllAnsweredTwo(template: string, userMap: map<string, string>, m2: Mention, m3: Mention)
    ensures AllAnswered(template, userMap, [m2, m3])
      == [Handled(m2.id, Replied, PostedTo(template, userMap, m2)),
          Handled(m3.id, Replied, PostedTo(template, userMap, m3))]
  {
    assert [m2, m3][1..] == [m3] && [m3][1..] == [];
    assert AllAnswered(template, userMap, [m3]) == [Handled(m3.id, Replied, PostedTo(template, userMap, m3))];
  }

  lemma AllAnsweredThree(template: string, userMap: map<string, string>, m1: Mention, m2: Mention, m3: Mention)
    ensures AllAnswered(template, userMap, [m1, m2, m3])
      == [Handled(m1.id, Replied, PostedTo(template, userMap, m1)),
          Handled(m2.id, Replied, PostedTo(template, userMap, m2)),
          Handled(m3.id, Replied, PostedTo(template, userMap, m3))]
  {
    assert [m1, m2, m3][1..] == [m2, m3] && [m2, m3][1..] == [m3] && [m3][1..] == [];
    assert AllAnswered(template, userMap, [m3]) == [Handled(m3.id, Replied, PostedTo(template, userMap, m3))];
    assert AllAnswered(template, userMap, [m2, m3])
      == [Handled(m2.id, Replied, PostedTo(template, userMap, m2))] + AllAnswered(template, userMap, [m3]);
  }

  /** Three mentions from others above the cursor, every reply going through: each answered in turn. */
  lemma ThreeAnswered(botId: string, template: string, store: Store, userMap: map<string, string>,
                      m1: Mention, m2: Mention, m3: Mention, post: Reply -> ReplyOutcome)
    requires Ascending3(botId, m1, m2, m3)
    requires store.cursor == NoCursor
    requires forall r :: post(r) == Posted
    ensures Run(botId, template, userMap, store, [m1, m2, m3], post)
      == Outcome(Saved(m3.id), [Handled(m1.id, Replied, PostedTo(template, userMap, m1)),
                                Handled(m2.id, Replied, PostedTo(template, userMap, m2)),
                                Handled(m3.id, Replied, PostedTo(template, userMap, m3))])
  {
    var tweets := [m1, m2, m3];
    forall i, j | 0 <= i < j < |tweets| ensures tweets[i].id < tweets[j].id {
    }
    EveryReplyPosted(botId, template, userMap, store, tweets, post);
    AllAnsweredThree(template, userMap, m1, m2, m3);
  }

  /**
   * With every reply going through and no cursor yet, a batch fetched as
   * [m3, m2, m1] is answered m1, then m2, then m3, and the cursor ends at m3.
   */
  lemma OldestFirst(botId: string, template: string, file: Option<string>, users: seq<User>,
                    m1: Mention, m2: Mention, m3: Mention, post: Reply -> ReplyOutcome)
    requires Ascending3(botId, m1, m2, m3)
    requires ReadCursor(file) == NoCursor
    requires forall r :: post(r) == Posted
    ensures var userMap := UserMapOf(users);
      Cycle(botId, template, file, Fetched([m3, m2, m1], users), post)
        == Outcome(Saved(m3.id), [Handled(m1.id, Replied, PostedTo(template, userMap, m1)),
                                  Handled(m2.id, Replied, PostedTo(template, userMap, m2)),
                                  Handled(m3.id, Replied, PostedTo(template, userMap, m3))])
  {
    InTurn(m1, m2, m3);
    ThreeAnswered(botId, template, Loaded(file), UserMapOf(users), m1, m2, m3, post);
  }

  /** The first reply goes through, the second is throttled: the run ends there, the cursor at the first. */
  lemma SecondThrottled(botId: string, template: string, store: Store, userMap: map<string, string>,
                        m1: Mention, m2: Mention, m3: Mention, post: Reply -> ReplyOutcome)
    requires Ascending3(botId, m1, m2, m3)
    requires store.cursor == NoCursor
    requires post(ReplyFor(template, userMap, m1)) == Posted
    requires post(ReplyFor(template, userMap, m2)) == Failed(Some(RateLimitedCode))
    ensures Run(botId, template, userMap, store, [m1, m2, m3], post)
      == Outcome(Saved(m1.id), [Handled(m1.id, Replied, PostedTo(template, userMap, m1)),
                                Handled(m2.id, AbortedRateLimited,
                                        Some(Attempt(ReplyFor(template, userMap, m2), Failed(Some(RateLimitedCode)))))])
  {
    var tweets := [m1, m2, m3];
    assert tweets[1..] == [m2, m3];
    RunCons(botId, template, userMap, store, tweets, post);
  }

  /**
   * The rate-limit abort: with no cursor yet, a batch fetched as [m3, m2, m1]
   * whose reply to m1 goes through and whose reply to m2 is throttled ends
   * after m2 with the cursor at m1; m3 is never attempted.
   */
  lemma RateLimitedAtSecond(botId: string, template: string, file: Option<string>, users: seq<User>,
                            m1: Mention, m2: Mention, m3: Mention, post: Reply -> ReplyOutcome)
    requires Ascending3(botId, m1, m2, m3)
    requires ReadCursor(file) == NoCursor
    requires post(ReplyFor(template, UserMapOf(users), m1)) == Posted
    requires post(ReplyFor(template, UserMapOf(users), m2)) == Failed(Some(RateLimitedCode))
    ensures var userMap := UserMapOf(users);
      Cycle(botId, template, file, Fetched([m3, m2, m1], users), post)
        == Outcome(Saved(m1.id), [Handled(m1.id, Replied, PostedTo(template, userMap, m1)),
                                  Handled(m2.id, AbortedRateLimited,
                                          Some(Attempt(ReplyFor(template, userMap, m2), Failed(Some(RateLimitedCode)))))])
  {
    InTurn(m1, m2, m3);
    SecondThrottled(botId, template, Loaded(file), UserMapOf(users), m1, m2, m3, post);
  }

  /** Two mentions above a cursor at m1, every reply going through: both answered in turn. */
  lemma TwoAnswered(botId: string, template: string, store: Store, userMap: map<string, string>,
                    m1: Mention, m2: Mention, m3: Mention, post: Reply -> ReplyOutcome)
    requires Ascending3(botId, m1, m2, m3)
    requires store.cursor == Cursor(m1.id)
    requires forall r :: post(r) == Posted
    ensures Run(botId, template, userMap, store, [m2, m3], post)
      == Outcome(Saved(m3.id), [Handled(m2.id, Replied, PostedTo(template, userMap, m2)),
                                Handled(m3.id, Replied, PostedTo(template, userMap, m3))])
  {
    EveryReplyPosted(botId, template, userMap, store, [m2, m3], post);
    AllAnsweredTwo(template, userMap, m2, m3);
  }

  /**
   * The next cycle, starting from the file the throttled cycle left behind
   * (the one `RateLimitedAtSecond` ends with) and fetching what lies above
   * its cursor, retries m2 and then reaches m3.
   */
  lemma RetryAfterRateLimit(botId: string, template: string, file: Option<string>, users: seq<User>,
                            m1: Mention, m2: Mention, m3: Mention, post: Reply -> ReplyOutcome)
    requires Ascending3(botId, m1, m2, m3)
    requires file == Saved(m1.id).file
    requires forall r :: post(r) == Posted
    ensures var userMap := UserMapOf(users);
      Cycle(botId, template, file, Fetched([m3, m2], users), post)
        == Outcome(Saved(m3.id), [Handled(m2.id, Replied, PostedTo(template, userMap, m2)),
                                  Handled(m3.id, Replied, PostedTo(template, userMap, m3))])
  {
    InTurnTwo(m2, m3);
    SavedIsRead(m1.id);
    TwoAnswered(botId, template, Loaded(file), UserMapOf(users), m1, m2, m3, post);
  }

}
