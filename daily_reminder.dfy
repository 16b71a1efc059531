/**
 * The message composition of `sendDailyNotification` in `backend/server.js`:
 * token documents are grouped by their (existing) user in first-seen order,
 * each user's three most important incomplete goals are listed, and one
 * reminder goes to every valid token of a user who has such goals.
 */
module DailyReminder {
  import opened Wrappers
  import opened GoalModel
  import opened Sorting
  import opened GoalStore
  import JsText

  /** A message handed to the push transport. */
  datatype PushMessage = PushMessage(to: string, sound: string, title: string, body: string, dataType: string)

  const REMINDER_TITLE: string := "\U{1F3AF} Daily Goal Reminder"
  const REMINDER_TOP := 3

  function Min(a: int, b: int): int {
    if a <= b then a else b
  }

  /**
   * The keys of `userTokens` in insertion order: the owners of the token documents
   * that still exist (`populate` gives null for a deleted user), each listed once
   * at its first token. ObjectId keys are not array indices, so `Object.entries`
   * keeps insertion order.
   */
  function UserOrder(docs: seq<TokenDoc>, users: set<UserId>): (r: seq<UserId>)
    ensures forall u :: u in r <==> u in users && exists k :: 0 <= k < |docs| && docs[k].userId == u
    ensures Distinct(r)
  {
    if docs == [] then []
    else
      var front := UserOrder(docs[..|docs| - 1], users);
      var d := docs[|docs| - 1];
      assert forall k :: 0 <= k < |docs| - 1 ==> docs[..|docs| - 1][k] == docs[k];
      if d.userId in users && d.userId !in front then front + [d.userId] else front
  }

  /** `userTokens[u]`: the tokens of user `u`, in the order of their documents. */
  function TokensOf(docs: seq<TokenDoc>, u: UserId): (r: seq<string>)
    ensures |r| <= |docs|
    ensures (forall k :: 0 <= k < |docs| ==> docs[k].userId != u) ==> r == []
    ensures forall t :: t in r ==> exists k :: 0 <= k < |docs| && docs[k] == TokenDoc(t, u)
  {
    if docs == [] then []
    else
      var d := docs[|docs| - 1];
      var front := docs[..|docs| - 1];
      assert forall k :: 0 <= k < |front| ==> front[k] == docs[k];
      TokensOf(front, u) + (if d.userId == u then [d.token] else [])
  }

  /** Every token document of `u` contributes its token. */
  lemma {:induction false} TokensOfComplete(docs: seq<TokenDoc>, u: UserId, k: nat)
    requires k < |docs| && docs[k].userId == u
    ensures docs[k].token in TokensOf(docs, u)
    decreases |docs|
  {
    var front := docs[..|docs| - 1];
    if k < |docs| - 1 {
      assert front[k] == docs[k];
      TokensOfComplete(front, u, k);
    }
  }

  /** A single document contributes its token exactly when it belongs to `u`. */
  lemma TokensOfSingle(d: TokenDoc, u: UserId)
    ensures TokensOf([d], u) == if d.userId == u then [d.token] else []
  {
    assert [d][..0] == [];
  }

  /** The tokens keep document order: those of a concatenation are those of the first part, then those of the second. */
  lemma {:induction false} TokensOfConcat(a: seq<TokenDoc>, b: seq<TokenDoc>, u: UserId)
    ensures TokensOf(a + b, u) == TokensOf(a, u) + TokensOf(b, u)
    decreases |b|
  {
    if b == [] {
      assert a + b == a;
    } else {
      var front := b[..|b| - 1];
      var d := b[|b| - 1];
      var tail := if d.userId == u then [d.token] else [];
      TokensOfConcat(a, front, u);
      assert (a + b)[..|a + b| - 1] == a + front;
      assert (a + b)[|a + b| - 1] == d;
      assert TokensOf(a + b, u) == TokensOf(a + front, u) + tail;
      assert TokensOf(b, u) == TokensOf(front, u) + tail;
    }
  }

  /** `Goal.find({ userId: u, isCompleted: false })` in natural order. */
  function Pending(goals: seq<Goal>, u: UserId): (r: seq<Goal>)
    ensures forall g :: g in r <==> g in goals && g.userId == u && !g.isCompleted
  {
    if goals == [] then []
    else
      var front := goals[..|goals| - 1];
      var last := goals[|goals| - 1];
      assert goals == front + [last];
      Pending(front, u) + (if last.userId == u && !last.isCompleted then [last] else [])
  }

  /** The sort `{ priority: -1, order: 1 }`. */
  function ReminderRank(g: Goal): Rank {
    Rank(-g.priority, g.order)
  }

  /** `goals.slice(0, 3)` of the sorted pending goals. */
  function TopGoals(goals: seq<Goal>, u: UserId): seq<Goal> {
    var c := Sort(Pending(goals, u), ReminderRank);
    c[..Min(REMINDER_TOP, |c|)]
  }

  /** `topGoals.map(g => `• ${g.title}`)`. */
  function Bullets(top: seq<Goal>): (r: seq<string>)
    ensures |r| == |top|
    ensures forall k :: 0 <= k < |top| ==> r[k] == "\U{2022} " + top[k].title
  {
    seq(|top|, k requires 0 <= k < |top| => "\U{2022} " + top[k].title)
  }

  function ReminderBody(top: seq<Goal>): string {
    "Your top priorities:\n" + JsText.Join(Bullets(top), "\n") + "\n\nTap to see all goals"
  }

  function Reminder(to: string, body: string): PushMessage {
    PushMessage(to, "default", REMINDER_TITLE, body, "daily_reminder")
  }

  /** The inner loop over a user's tokens: one reminder per token that passes the format check. */
  function TokenMessages(toks: seq<string>, body: string, valid: string -> bool): (r: seq<PushMessage>)
    ensures |r| <= |toks|
    ensures forall m :: m in r <==> exists k :: 0 <= k < |toks| && valid(toks[k]) && m == Reminder(toks[k], body)
  {
    if toks == [] then []
    else
      var front := toks[..|toks| - 1];
      var t := toks[|toks| - 1];
      assert forall k :: 0 <= k < |front| ==> front[k] == toks[k];
      TokenMessages(front, body, valid) + (if valid(t) then [Reminder(t, body)] else [])
  }

  /** The messages for one user: none without pending goals, else one per valid token. */
  function UserMessages(goals: seq<Goal>, docs: seq<TokenDoc>, u: UserId, valid: string -> bool): seq<PushMessage> {
    var top := TopGoals(goals, u);
    if top == [] then [] else TokenMessages(TokensOf(docs, u), ReminderBody(top), valid)
  }

  /** The outer loop over users. */
  function MessagesFor(goals: seq<Goal>, docs: seq<TokenDoc>, us: seq<UserId>, valid: string -> bool): seq<PushMessage> {
    if us == [] then []
    else MessagesFor(goals, docs, us[..|us| - 1], valid) + UserMessages(goals, docs, us[|us| - 1], valid)
  }

  /** The whole `messages` array `sendDailyNotification` builds. */
  function DailyMessages(goals: seq<Goal>, docs: seq<TokenDoc>, users: set<UserId>, valid: string -> bool): seq<PushMessage> {
    MessagesFor(goals, docs, UserOrder(docs, users), valid)
  }

  /** The `tokens.forEach` that fills `userTokens`, keyed by user, with the keys in first-seen order. */
  method GroupTokens(docs: seq<TokenDoc>, users: set<UserId>)
    returns (order: seq<UserId>, userTokens: map<UserId, seq<string>>)
    ensures order == UserOrder(docs, users)
    ensures forall u :: u in userTokens <==> u in order
    ensures forall u :: u in userTokens ==> userTokens[u] == TokensOf(docs, u)
  {
    order := [];
    userTokens := map[];
    var i := 0;
    ghost var pre := [];
    while i < |docs|
      invariant 0 <= i <= |docs| && pre == docs[..i]
      invariant Grouped(pre, users, order, userTokens)
    {
      var d := docs[i];
      if d.userId !in users {
        SkipStep(pre, d, users, order, userTokens);
      } else if d.userId in userTokens {
        PushStep(pre, d, users, order, userTokens);
        userTokens := userTokens[d.userId := userTokens[d.userId] + [d.token]];
      } else {
        FirstStep(pre, d, users, order, userTokens);
        order := order + [d.userId];
        userTokens := userTokens[d.userId := [d.token]];
      }
      PrefixSnoc(docs, i);
      pre := pre + [d];
      i := i + 1;
    }
    assert docs[..|docs|] == docs;
  }

  /** The loop invariant of `GroupTokens` after the documents `prefix`. */
  ghost predicate Grouped(prefix: seq<TokenDoc>, users: set<UserId>, order: seq<UserId>, tokens: map<UserId, seq<string>>) {
    && order == UserOrder(prefix, users)
    && (forall u :: u in tokens <==> u in order)
    && (forall u :: u in tokens ==> tokens[u] == TokensOf(prefix, u))
  }

  /** The prefix one document longer. */
  lemma PrefixSnoc(docs: seq<TokenDoc>, i: nat)
    requires i < |docs|
    ensures docs[..i + 1] == docs[..i] + [docs[i]]
  {
  }

  /** A document whose user is gone changes nothing. */
  lemma SkipStep(pre: seq<TokenDoc>, d: TokenDoc, users: set<UserId>, order: seq<UserId>, tokens: map<UserId, seq<string>>)
    requires Grouped(pre, users, order, tokens) && d.userId !in users
    ensures Grouped(pre + [d], users, order, tokens)
  {
    OrderStep(pre, d, users);
    forall u | u in tokens ensures tokens[u] == TokensOf(pre + [d], u) {
      TokensStep(pre, d, u);
    }
  }

  /** Another document of a user already seen appends its token to that user's list. */
  lemma PushStep(pre: seq<TokenDoc>, d: TokenDoc, users: set<UserId>, order: seq<UserId>, tokens: map<UserId, seq<string>>)
    requires Grouped(pre, users, order, tokens)
    requires d.userId in users && d.userId in tokens
    ensures Grouped(pre + [d], users, order, tokens[d.userId := tokens[d.userId] + [d.token]])
  {
    OrderStep(pre, d, users);
    PushTokens(pre, d, tokens);
  }

  /** The token lists after appending `d.token` to its user's list. */
  lemma PushTokens(pre: seq<TokenDoc>, d: TokenDoc, tokens: map<UserId, seq<string>>)
    requires forall u :: u in tokens ==> tokens[u] == TokensOf(pre, u)
    requires d.userId in tokens
    ensures var tokens' := tokens[d.userId := tokens[d.userId] + [d.token]];
      forall u :: u in tokens' ==> tokens'[u] == TokensOf(pre + [d], u)
  {
    var tokens' := tokens[d.userId := tokens[d.userId] + [d.token]];
    forall u | u in tokens' ensures tokens'[u] == TokensOf(pre + [d], u) {
      TokensStep(pre, d, u);
    }
  }

  /** The first document of a user adds the user to the order with a one-token list. */
  lemma FirstStep(pre: seq<TokenDoc>, d: TokenDoc, users: set<UserId>, order: seq<UserId>, tokens: map<UserId, seq<string>>)
    requires Grouped(pre, users, order, tokens)
    requires d.userId in users && d.userId !in tokens
    ensures Grouped(pre + [d], users, order + [d.userId], tokens[d.userId := [d.token]])
  {
    var tokens' := tokens[d.userId := [d.token]];
    OrderStep(pre, d, users);
    FirstSeenHasNoTokens(pre, d, users);
    forall u | u in tokens' ensures tokens'[u] == TokensOf(pre + [d], u) {
      TokensStep(pre, d, u);
      if u == d.userId {
        assert TokensOf(pre + [d], u) == [] + [d.token];
      }
    }
  }

  /** One more document extends the user order as the loop body does. */
  lemma OrderStep(pre: seq<TokenDoc>, d: TokenDoc, users: set<UserId>)
    ensures var f := UserOrder(pre, users);
      UserOrder(pre + [d], users) == if d.userId in users && d.userId !in f then f + [d.userId] else f
  {
    var post := pre + [d];
    assert post[..|post| - 1] == pre && post[|post| - 1] == d;
  }

  /** One more document extends the token list of its own user only. */
  lemma TokensStep(pre: seq<TokenDoc>, d: TokenDoc, u: UserId)
    ensures TokensOf(pre + [d], u) == TokensOf(pre, u) + (if d.userId == u then [d.token] else [])
  {
    var post := pre + [d];
    assert post[..|post| - 1] == pre && post[|post| - 1] == d;
  }

  /** A user met for the first time has no tokens yet. */
  lemma FirstSeenHasNoTokens(pre: seq<TokenDoc>, d: TokenDoc, users: set<UserId>)
    requires d.userId in users && d.userId !in UserOrder(pre, users)
    ensures TokensOf(pre, d.userId) == []
  {
    assert forall k :: 0 <= k < |pre| ==> pre[k].userId != d.userId;
  }

  /** The loop over one user's tokens. */
  method TokenReminders(toks: seq<string>, body: string, valid: string -> bool) returns (messages: seq<PushMessage>)
    ensures messages == TokenMessages(toks, body, valid)
  {
    messages := [];
    var t := 0;
    while t < |toks|
      invariant 0 <= t <= |toks|
      invariant messages == TokenMessages(toks[..t], body, valid)
    {
      assert toks[..t + 1][..t] == toks[..t];
      if valid(toks[t]) {
        messages := messages + [Reminder(toks[t], body)];
      }
      t := t + 1;
    }
    assert toks[..|toks|] == toks;
  }

  /** The composition of `sendDailyNotification`, with the source's loops. */
  method ComposeDailyMessages(goals: seq<Goal>, docs: seq<TokenDoc>, users: set<UserId>, valid: string -> bool)
    returns (messages: seq<PushMessage>)
    ensures messages == DailyMessages(goals, docs, users, valid)
  {
    var order, userTokens := GroupTokens(docs, users);
    messages := [];
    var j := 0;
    while j < |order|
      invariant 0 <= j <= |order|
      invariant messages == MessagesFor(goals, docs, order[..j], valid)
    {
      var u := order[j];
      MessagesForStep(goals, docs, order, j, valid);
      var top := TopGoals(goals, u);
      if |top| > 0 {
        assert u in userTokens;
        var sent := TokenReminders(userTokens[u], ReminderBody(top), valid);
        messages := messages + sent;
      }
      j := j + 1;
    }
    assert order[..|order|] == order;
  }

  /** One more user extends the message list with that user's messages. */
  lemma MessagesForStep(goals: seq<Goal>, docs: seq<TokenDoc>, us: seq<UserId>, j: nat, valid: string -> bool)
    requires j < |us|
    ensures MessagesFor(goals, docs, us[..j + 1], valid) == MessagesFor(goals, docs, us[..j], valid) + UserMessages(goals, docs, us[j], valid)
  {
    assert us[..j + 1][..j] == us[..j];
  }

  /**
   * A user's reminder lists three goals, or all of them when the user has fewer than
   * three incomplete goals, and only the user's own incomplete goals.
   */
  lemma TopGoalsSelection(goals: seq<Goal>, u: UserId)
    ensures var top := TopGoals(goals, u);
      && |top| == Min(REMINDER_TOP, |Pending(goals, u)|)
      && forall g :: g in top ==> g in goals && g.userId == u && !g.isCompleted
  {
    var p := Pending(goals, u);
    var c := Sort(p, ReminderRank);
    SortPermutesAndOrders(p, ReminderRank);
    var top := c[..Min(REMINDER_TOP, |c|)];
    forall g | g in top ensures g in p {
      SortMembers(p, ReminderRank, g);
    }
  }

  /** The listed goals go by priority from highest, then by order from lowest. */
  lemma TopGoalsOrdered(goals: seq<Goal>, u: UserId)
    ensures var top := TopGoals(goals, u);
      forall i, j :: 0 <= i < j < |top| ==>
        top[i].priority > top[j].priority || (top[i].priority == top[j].priority && top[i].order <= top[j].order)
  {
    var p := Pending(goals, u);
    var c := Sort(p, ReminderRank);
    SortPermutesAndOrders(p, ReminderRank);
    var top := TopGoals(goals, u);
    forall i, j | 0 <= i < j < |top|
      ensures RankLe(ReminderRank(top[i]), ReminderRank(top[j]))
    {
      assert top[i] == c[i] && top[j] == c[j];
    }
  }

  /** No incomplete goal of the user that is left out ranks ahead of a listed one. */
  lemma TopGoalsBest(goals: seq<Goal>, u: UserId, g: Goal)
    requires g in goals && g.userId == u && !g.isCompleted && g !in TopGoals(goals, u)
    ensures var top := TopGoals(goals, u);
      forall k :: 0 <= k < |top| ==>
        top[k].priority > g.priority || (top[k].priority == g.priority && top[k].order <= g.order)
  {
    var p := Pending(goals, u);
    var c := Sort(p, ReminderRank);
    SortPermutesAndOrders(p, ReminderRank);
    SortMembers(p, ReminderRank, g);
    var top := TopGoals(goals, u);
    var j :| 0 <= j < |c| && c[j] == g;
    assert j >= |top|;
    forall k | 0 <= k < |top| ensures RankLe(ReminderRank(top[k]), ReminderRank(g)) {
      assert top[k] == c[k];
    }
  }

  /** Every reminder goes to a valid token with the fixed title, sound and payload type. */
  lemma {:induction false} MessagesAreReminders(goals: seq<Goal>, docs: seq<TokenDoc>, us: seq<UserId>,
                                                valid: string -> bool, m: PushMessage)
    requires m in MessagesFor(goals, docs, us, valid)
    ensures valid(m.to) && m.title == REMINDER_TITLE && m.sound == "default" && m.dataType == "daily_reminder"
    ensures exists k :: 0 <= k < |us| && TopGoals(goals, us[k]) != [] && m.to in TokensOf(docs, us[k])
                        && m.body == ReminderBody(TopGoals(goals, us[k]))
  {
    var front := us[..|us| - 1];
    var u := us[|us| - 1];
    if m in MessagesFor(goals, docs, front, valid) {
      MessagesAreReminders(goals, docs, front, valid, m);
      var k :| 0 <= k < |front| && TopGoals(goals, front[k]) != [] && m.to in TokensOf(docs, front[k])
               && m.body == ReminderBody(TopGoals(goals, front[k]));
      assert us[k] == front[k];
    } else {
      assert m in UserMessages(goals, docs, u, valid);
      var toks := TokensOf(docs, u);
      var j :| 0 <= j < |toks| && valid(toks[j]) && m == Reminder(toks[j], ReminderBody(TopGoals(goals, u)));
      assert us[|us| - 1] == u;
    }
  }

  /** A token document whose user no longer exists changes nothing in the daily messages. */
  lemma OrphanTokenIgnored(goals: seq<Goal>, docs: seq<TokenDoc>, d: TokenDoc, users: set<UserId>, valid: string -> bool)
    requires d.userId !in users
    ensures DailyMessages(goals, docs + [d], users, valid) == DailyMessages(goals, docs, users, valid)
  {
    var docs' := docs + [d];
    assert docs'[..|docs'| - 1] == docs;
    var us := UserOrder(docs, users);
    assert UserOrder(docs', users) == us;
    OrphanTokenIgnoredFor(goals, docs, d, us, users, valid);
  }

  lemma {:induction false} OrphanTokenIgnoredFor(goals: seq<Goal>, docs: seq<TokenDoc>, d: TokenDoc,
                                                 us: seq<UserId>, users: set<UserId>, valid: string -> bool)
    requires d.userId !in users
    requires forall k :: 0 <= k < |us| ==> us[k] in users
    ensures MessagesFor(goals, docs + [d], us, valid) == MessagesFor(goals, docs, us, valid)
  {
    if us != [] {
      var front := us[..|us| - 1];
      OrphanTokenIgnoredFor(goals, docs, d, front, users, valid);
      var docs' := docs + [d];
      assert docs'[..|docs'| - 1] == docs;
      assert TokensOf(docs', us[|us| - 1]) == TokensOf(docs, us[|us| - 1]);
    }
  }

  /** A user whose goals are all completed receives nothing. */
  lemma NoPendingNoMessages(goals: seq<Goal>, docs: seq<TokenDoc>, u: UserId, valid: string -> bool)
    requires forall g :: g in goals && g.userId == u ==> g.isCompleted
    ensures UserMessages(goals, docs, u, valid) == []
  {
    SortPermutesAndOrders(Pending(goals, u), ReminderRank);
  }

  /** The outer loop keeps every message of every listed user. */
  lemma {:induction false} MessagesForKeepsUser(goals: seq<Goal>, docs: seq<TokenDoc>, us: seq<UserId>,
                                                valid: string -> bool, u: UserId, m: PushMessage)
    requires u in us && m in UserMessages(goals, docs, u, valid)
    ensures m in MessagesFor(goals, docs, us, valid)
  {
    var front := us[..|us| - 1];
    if us[|us| - 1] != u {
      assert u in front by { assert us == front + [us[|us| - 1]]; }
      MessagesForKeepsUser(goals, docs, front, valid, u, m);
    }
  }

  /**
   * Every existing user with an incomplete goal gets the reminder at each of their
   * tokens that passes the format check.
   */
  lemma DailyReminderDelivered(goals: seq<Goal>, docs: seq<TokenDoc>, users: set<UserId>, valid: string -> bool,
                               k: nat, j: nat)
    requires k < |docs| && docs[k].userId in users && valid(docs[k].token)
    requires j < |goals| && goals[j].userId == docs[k].userId && !goals[j].isCompleted
    ensures var u := docs[k].userId;
      TopGoals(goals, u) != []
      && Reminder(docs[k].token, ReminderBody(TopGoals(goals, u))) in DailyMessages(goals, docs, users, valid)
  {
    var u := docs[k].userId;
    var p := Pending(goals, u);
    assert goals[j] in p;
    SortPermutesAndOrders(p, ReminderRank);
    var top := TopGoals(goals, u);
    assert |top| > 0;
    var toks := TokensOf(docs, u);
    TokensOfComplete(docs, u, k);
    var i :| 0 <= i < |toks| && toks[i] == docs[k].token;
    var m := Reminder(docs[k].token, ReminderBody(top));
    assert m in TokenMessages(toks, ReminderBody(top), valid);
    assert m in UserMessages(goals, docs, u, valid);
    MessagesForKeepsUser(goals, docs, UserOrder(docs, users), valid, u, m);
  }

  const TYPE_ERROR := "Cannot read properties of undefined (reading 'toString')"

  /**
   * The grouping as the source has it. `backend/models/PushToken.js` declares `userId`
   * a String with no `ref`, so `populate('userId')` leaves the stored String in place
   * (or refuses the path). A String is truthy, its `_id` is undefined, and
   * `.toString()` on it throws at the first token document.
   */
  function GroupAsWritten(docs: seq<TokenDoc>, users: set<UserId>): (r: Result<seq<UserId>, string>)
    ensures r.Err? <==> docs != []
    ensures r.Ok? ==> r.value == UserOrder(docs, users)
  {
    if docs != [] then Err(TYPE_ERROR) else Ok([])
  }

  /** The messages as written: the catch around the job swallows the error and nothing is sent. */
  function DailyMessagesAsWritten(goals: seq<Goal>, docs: seq<TokenDoc>, users: set<UserId>,
                                  valid: string -> bool): seq<PushMessage>
  {
    match GroupAsWritten(docs, users)
    case Err(_) => []
    case Ok(us) => MessagesFor(goals, docs, us, valid)
  }

  /**
   * Where the intended job would deliver a reminder, the job as written sends
   * no message at all.
   */
  lemma AsWrittenSendsNoReminder(goals: seq<Goal>, docs: seq<TokenDoc>, users: set<UserId>, valid: string -> bool,
                                 k: nat, j: nat)
    requires k < |docs| && docs[k].userId in users && valid(docs[k].token)
    requires j < |goals| && goals[j].userId == docs[k].userId && !goals[j].isCompleted
    ensures DailyMessagesAsWritten(goals, docs, users, valid) == []
    ensures DailyMessages(goals, docs, users, valid) != []
  {
    DailyReminderDelivered(goals, docs, users, valid, k, j);
  }
}
