/**
 * The queries the goal handlers of `backend/server.js` run against the `goals`
 * and `pushtokens` collections, stated on sequences in natural (insertion) order.
 */
module GoalStore {
  import opened Wrappers
  import opened GoalModel

  /** A document of the push-token collection: a token string bound to one user. */
  datatype TokenDoc = TokenDoc(token: string, userId: UserId)

  /** `_id` is the primary key of the goals collection. */
  predicate DistinctIds(goals: seq<Goal>) {
    forall i, j :: 0 <= i < j < |goals| ==> goals[i].id != goals[j].id
  }

  /** `token` carries a unique index in the push-token collection. */
  predicate DistinctTokens(docs: seq<TokenDoc>) {
    forall i, j :: 0 <= i < j < |docs| ==> docs[i].token != docs[j].token
  }

  predicate Distinct<T(==)>(s: seq<T>) {
    forall i, j :: 0 <= i < j < |s| ==> s[i] != s[j]
  }

  /** `Goal.find({ userId: u })` in natural order. */
  function OwnedBy(goals: seq<Goal>, u: UserId): (r: seq<Goal>)
    ensures |r| <= |goals|
    ensures forall g :: g in r <==> g in goals && g.userId == u
  {
    if goals == [] then []
    else
      var front := goals[..|goals| - 1];
      var last := goals[|goals| - 1];
      assert goals == front + [last];
      OwnedBy(front, u) + (if last.userId == u then [last] else [])
  }

  /** `Goal.findOne({ _id: id, userId: u })`: the position of the match, or -1. */
  function FindOwned(goals: seq<Goal>, id: GoalId, u: UserId): (i: int)
    ensures -1 <= i < |goals|
    ensures i >= 0 ==> goals[i].id == id && goals[i].userId == u
    ensures i == -1 <==> forall k :: 0 <= k < |goals| ==> !(goals[k].id == id && goals[k].userId == u)
  {
    if goals == [] then -1
    else if goals[0].id == id && goals[0].userId == u then 0
    else
      var j := FindOwned(goals[1..], id, u);
      assert forall k :: 1 <= k < |goals| ==> goals[k] == goals[1..][k - 1];
      if j < 0 then -1 else j + 1
  }

  /** `Goal.findById(id)`: the position of the goal with that id, or -1. */
  function FindById(goals: seq<Goal>, id: GoalId): (i: int)
    ensures -1 <= i < |goals|
    ensures i >= 0 ==> goals[i].id == id
    ensures i == -1 <==> forall k :: 0 <= k < |goals| ==> goals[k].id != id
  {
    if goals == [] then -1
    else if goals[0].id == id then 0
    else
      var j := FindById(goals[1..], id);
      assert forall k :: 1 <= k < |goals| ==> goals[k] == goals[1..][k - 1];
      if j < 0 then -1 else j + 1
  }

  /** With unique ids, the owned match is the goal with that id, when its owner is `u`. */
  lemma FindOwnedById(goals: seq<Goal>, id: GoalId, u: UserId)
    requires DistinctIds(goals)
    ensures var i := FindById(goals, id);
      FindOwned(goals, id, u) == if i >= 0 && goals[i].userId == u then i else -1
  {
    var i := FindOwned(goals, id, u);
    var j := FindById(goals, id);
    if i >= 0 {
      assert j >= 0;
      assert i == j;
    }
  }

  /** Deleting by position removes exactly the goals with that id and keeps the rest in order. */
  lemma RemoveAtRemovesId(goals: seq<Goal>, i: nat)
    requires DistinctIds(goals) && i < |goals|
    ensures DistinctIds(goals[..i] + goals[i + 1..])
    ensures forall g :: g in goals[..i] + goals[i + 1..] <==> g in goals && g.id != goals[i].id
  {
    var r := goals[..i] + goals[i + 1..];
    assert forall k :: 0 <= k < |r| ==> r[k] == goals[if k < i then k else k + 1];
    forall g | g in goals && g.id != goals[i].id ensures g in r {
      var k :| 0 <= k < |goals| && goals[k] == g;
      assert k != i;
      assert r[if k < i then k else k - 1] == g;
    }
  }

  // ---------------------------------------------------------------------
  // The all-or-nothing check of the reorder handler

  predicate Matches(g: Goal, ids: seq<GoalId>, u: UserId) {
    g.id in ids && g.userId == u
  }

  /** `(await Goal.find({ _id: { $in: ids }, userId: u })).length`. */
  function MatchCount(goals: seq<Goal>, ids: seq<GoalId>, u: UserId): nat {
    if goals == [] then 0
    else MatchCount(goals[..|goals| - 1], ids, u) + (if Matches(goals[|goals| - 1], ids, u) then 1 else 0)
  }

  /** The ids of the goals the reorder query matches. */
  function MatchedIds(goals: seq<Goal>, ids: seq<GoalId>, u: UserId): (m: set<GoalId>)
    ensures forall x :: x in m <==> x in ids && exists k :: 0 <= k < |goals| && goals[k].id == x && goals[k].userId == u
  {
    if goals == [] then {}
    else
      var front := goals[..|goals| - 1];
      var last := goals[|goals| - 1];
      assert forall k :: 0 <= k < |front| ==> front[k] == goals[k];
      MatchedIds(front, ids, u) + (if Matches(last, ids, u) then {last.id} else {})
  }

  /** The set of elements of a sequence. */
  function Elements(s: seq<GoalId>): (e: set<GoalId>)
    ensures forall x :: x in e <==> x in s
    ensures |e| <= |s|
  {
    if s == [] then {} else Elements(s[..|s| - 1]) + {s[|s| - 1]}
  }

  lemma {:induction false} MatchCountIsCardinality(goals: seq<Goal>, ids: seq<GoalId>, u: UserId)
    requires DistinctIds(goals)
    ensures MatchCount(goals, ids, u) == |MatchedIds(goals, ids, u)|
  {
    if goals != [] {
      var front := goals[..|goals| - 1];
      var last := goals[|goals| - 1];
      assert DistinctIds(front);
      MatchCountIsCardinality(front, ids, u);
      if Matches(last, ids, u) {
        assert last.id !in MatchedIds(front, ids, u);
      }
    }
  }

  lemma DistinctSnoc(front: seq<GoalId>, last: GoalId)
    ensures Distinct(front + [last]) <==> Distinct(front) && last !in front
  {
    var s := front + [last];
    assert forall k :: 0 <= k < |front| ==> s[k] == front[k];
    if last in front {
      var k :| 0 <= k < |front| && front[k] == last;
      assert s[k] == s[|s| - 1];
    }
  }

  lemma {:induction false} ElementsOfDistinct(s: seq<GoalId>)
    ensures |Elements(s)| == |s| <==> Distinct(s)
  {
    if s != [] {
      var front := s[..|s| - 1];
      var last := s[|s| - 1];
      assert s == front + [last];
      ElementsOfDistinct(front);
      DistinctSnoc(front, last);
      assert Elements(s) == Elements(front) + {last};
      if last in front {
        assert Elements(s) == Elements(front);
      } else {
        assert |Elements(s)| == |Elements(front)| + 1;
      }
    }
  }

  lemma SubsetCardinality<T>(a: set<T>, b: set<T>)
    requires a <= b
    ensures |a| <= |b|
    ensures |a| == |b| ==> a == b
  {
    if a != b {
      assert !(b <= a);
      var x :| x in b && x !in a;
      assert a <= b - {x};
      SubsetCardinality(a, b - {x});
    }
  }

  /**
   * The reorder handler's count check accepts exactly when the ids are pairwise distinct and
   * every one of them names a goal of the caller: a missing, foreign or repeated id makes the
   * match count differ from the number of ids.
   */
  lemma ReorderAccepted(goals: seq<Goal>, ids: seq<GoalId>, u: UserId)
    requires DistinctIds(goals)
    ensures MatchCount(goals, ids, u) == |ids| <==>
            Distinct(ids) && forall j :: 0 <= j < |ids| ==> FindOwned(goals, ids[j], u) >= 0
  {
    MatchCountIsCardinality(goals, ids, u);
    ElementsOfDistinct(ids);
    var m := MatchedIds(goals, ids, u);
    var e := Elements(ids);
    SubsetCardinality(m, e);
    if MatchCount(goals, ids, u) == |ids| {
      forall j | 0 <= j < |ids| ensures FindOwned(goals, ids[j], u) >= 0 {
        assert ids[j] in e;
        assert ids[j] in m;
      }
    }
    if Distinct(ids) && forall j :: 0 <= j < |ids| ==> FindOwned(goals, ids[j], u) >= 0 {
      forall x | x in e ensures x in m {
        var j :| 0 <= j < |ids| && ids[j] == x;
        var k := FindOwned(goals, ids[j], u);
        assert goals[k].id == x && goals[k].userId == u;
      }
      assert m == e;
    }
  }

  /** The position of `x` in `ids`, or -1. */
  function PositionOf(ids: seq<GoalId>, x: GoalId): (j: int)
    ensures -1 <= j < |ids|
    ensures j >= 0 ==> ids[j] == x
    ensures j == -1 <==> x !in ids
  {
    if ids == [] then -1
    else if ids[|ids| - 1] == x then |ids| - 1
    else PositionOf(ids[..|ids| - 1], x)
  }

  /** In a list without repeats, each element sits at exactly one position. */
  lemma PositionOfDistinct(ids: seq<GoalId>, j: nat)
    requires Distinct(ids) && j < |ids|
    ensures PositionOf(ids, ids[j]) == j
  {
  }

  // ---------------------------------------------------------------------
  // The push-token table

  /** `PushToken.deleteMany({ token, userId: { $ne: u } })`. */
  function RemoveForeign(docs: seq<TokenDoc>, token: string, u: UserId): (r: seq<TokenDoc>)
    ensures forall d :: d in r <==> d in docs && !(d.token == token && d.userId != u)
    ensures DistinctTokens(docs) ==> DistinctTokens(r)
  {
    if docs == [] then []
    else
      var front := docs[..|docs| - 1];
      var last := docs[|docs| - 1];
      assert docs == front + [last];
      var kept := RemoveForeign(front, token, u);
      assert DistinctTokens(docs) ==> DistinctTokens(front) && forall d :: d in front ==> d.token != last.token;
      kept + (if last.token == token && last.userId != u then [] else [last])
  }
}
