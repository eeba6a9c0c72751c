/**
 * Two poll cycles that reach the same mention. `setInterval` starts a cycle
 * every interval whether or not the previous one has finished, so a cycle
 * waiting on its reply call can still be running when the next one reads the
 * cursor file. Overlapped, both cycles read the cursor before either saves;
 * one after the other, the second reads what the first saved.
 */
module CycleOverlap {
  import opened Wrappers
  import opened CursorStore
  import opened Mentions
  import opened Dispatch
  import opened DispatchProperties

  /** The reply calls of two cycles handling `m` whose cursor reads both happen before either save. */
  function OverlappedLog(botId: string, template: string, userMap: map<string, string>,
                         store: Store, m: Mention, post: Reply -> ReplyOutcome): seq<Attempt>
  {
    var first := Step(botId, template, userMap, store, m, post);
    var second := Step(botId, template, userMap, store, m, post);
    Attempts(first.trace) + Attempts(second.trace)
  }

  /** The reply calls of the same two cycles when the second starts after the first has finished. */
  function SequentialLog(botId: string, template: string, userMap: map<string, string>,
                         store: Store, m: Mention, post: Reply -> ReplyOutcome): seq<Attempt>
  {
    var first := Step(botId, template, userMap, store, m, post);
    var second := Step(botId, template, userMap, first.store, m, post);
    Attempts(first.trace) + Attempts(second.trace)
  }

  /**
   * Overlapping cycles post the same reply twice: a mention from someone else
   * above the cursor, answered normally, is resolved by two reply calls, and
   * the log breaks the at-most-once invariant whatever the cursor.
   */
  lemma OverlapRepliesTwice(botId: string, template: string, userMap: map<string, string>,
                            store: Store, m: Mention, post: Reply -> ReplyOutcome, cursor: CursorRead)
    requires m.authorId != botId
    requires store.cursor == NoCursor || (store.cursor.Cursor? && m.id > store.cursor.id)
    requires post(ReplyFor(template, userMap, m)) == Posted
    ensures var log := OverlappedLog(botId, template, userMap, store, m, post);
      && log == [Attempt(ReplyFor(template, userMap, m), Posted), Attempt(ReplyFor(template, userMap, m), Posted)]
      && ResolvedIds(log) == [m.id, m.id]
      && !RepliedAtMostOnce(cursor, log)
  {
    var a := Attempt(ReplyFor(template, userMap, m), Posted);
    StepShape(botId, template, userMap, store, m, post);
    ReplyStep(botId, template, userMap, store, m, post);
    var log := OverlappedLog(botId, template, userMap, store, m, post);
    assert log == [a, a];
    assert Resolved(a) && a.reply.inReplyTo == m.id;
    assert [a][..0] == [];
    assert ResolvedIds([a]) == [m.id];
    assert [a, a][..1] == [a];
    assert ResolvedIds(log) == [m.id, m.id];
    var ids := ResolvedIds(log);
    assert !(ids[0] < ids[1]);
  }

  /**
   * One after the other, the second cycle finds the mention at the cursor and
   * skips it: a single reply call, and the invariant is kept.
   */
  lemma SequentialRepliesOnce(botId: string, template: string, userMap: map<string, string>,
                              store: Store, m: Mention, post: Reply -> ReplyOutcome, log: seq<Attempt>)
    requires m.authorId != botId
    requires store.cursor == NoCursor || (store.cursor.Cursor? && m.id > store.cursor.id)
    requires post(ReplyFor(template, userMap, m)) == Posted
    requires RepliedAtMostOnce(store.cursor, log)
    ensures var calls := SequentialLog(botId, template, userMap, store, m, post);
      && calls == [Attempt(ReplyFor(template, userMap, m), Posted)]
      && RepliedAtMostOnce(Cursor(m.id), log + calls)
  {
    var a := Attempt(ReplyFor(template, userMap, m), Posted);
    ReplyStep(botId, template, userMap, store, m, post);
    var first := Step(botId, template, userMap, store, m, post);
    assert first == Outcome(Saved(m.id), [Handled(m.id, Replied, Some(a))]);
    GuardStep(botId, template, userMap, Saved(m.id), m, post);
    var second := Step(botId, template, userMap, Saved(m.id), m, post);
    assert second.trace == [Handled(m.id, SkippedSeen, None)];
    StepShape(botId, template, userMap, store, m, post);
    StepShape(botId, template, userMap, Saved(m.id), m, post);
    assert SequentialLog(botId, template, userMap, store, m, post) == [a] + [];
    LogReplyKeeps(store.cursor, log, a);
  }
}
