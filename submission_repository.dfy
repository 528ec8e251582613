/**
 * `SubmissionRepository`: the derived and hand-written queries over the
 * submission table, modelled as filters and sorts over the stored rows.
 */
module SubmissionRepository {
  import opened Wrappers
  import opened Model
  import Lists

  /** `CAST(s.submittedAt AS timestamp) <= CAST(:deadline AS timestamp)`; a null deadline matches nothing. */
  predicate WithinDeadline(s: Submission, deadline: Option<int>) {
    deadline.Some? && s.submittedAt <= deadline.value
  }

  /** The WHERE clause of `findByUserIdsAndProblemIdsAndDeadline`. */
  predicate DeadlineQueryMatches(s: Submission, userIds: seq<int>, problemIds: seq<int>, deadline: Option<int>) {
    s.userId in userIds && s.problemId in problemIds && WithinDeadline(s, deadline)
  }

  /** The WHERE clause as a test on one row. */
  function DeadlineQuery(userIds: seq<int>, problemIds: seq<int>, deadline: Option<int>): Submission -> bool {
    (s: Submission) => DeadlineQueryMatches(s, userIds, problemIds, deadline)
  }

  /**
   * `findByUserIdsAndProblemIdsAndDeadline`. The query has no ORDER BY; the
   * model returns the matching rows in stored order: every stored row that
   * matches, each as often as it is stored, and no other.
   */
  function FindByUserIdsAndProblemIdsAndDeadline(
    all: seq<Submission>, userIds: seq<int>, problemIds: seq<int>, deadline: Option<int>): (r: seq<Submission>)
    ensures r == Lists.Filter(all, DeadlineQuery(userIds, problemIds, deadline))
    ensures |r| <= |all|
    ensures forall s :: s in r <==> s in all && DeadlineQueryMatches(s, userIds, problemIds, deadline)
    decreases |all|
  {
    if all == [] then []
    else
      var last := all[|all| - 1];
      var prefix := all[..|all| - 1];
      assert all == prefix + [last];
      var keep := DeadlineQuery(userIds, problemIds, deadline);
      Lists.FilterAppend(prefix, [last], keep);
      assert Lists.Filter([last], keep) == (if keep(last) then [last] else []) + Lists.Filter([], keep);
      FindByUserIdsAndProblemIdsAndDeadline(prefix, userIds, problemIds, deadline)
        + (if DeadlineQueryMatches(last, userIds, problemIds, deadline) then [last] else [])
  }

  /** The deadline bound is inclusive: a row stamped exactly at the deadline is kept, a later one is not. */
  lemma DeadlineIsInclusive(all: seq<Submission>, s: Submission, userIds: seq<int>, problemIds: seq<int>, deadline: int)
    requires s in all && s.userId in userIds && s.problemId in problemIds
    ensures s.submittedAt == deadline ==> s in FindByUserIdsAndProblemIdsAndDeadline(all, userIds, problemIds, Some(deadline))
    ensures s.submittedAt > deadline ==> s !in FindByUserIdsAndProblemIdsAndDeadline(all, userIds, problemIds, Some(deadline))
  {
  }

  /** The column a derived query orders by. */
  datatype Order = ById | BySubmittedAt

  function Key(s: Submission, o: Order): int {
    match o
    case ById => s.id
    case BySubmittedAt => s.submittedAt
  }

  /** Ordered by `o`, descending. */
  predicate SortedDesc(ss: seq<Submission>, o: Order) {
    forall i, j :: 0 <= i < j < |ss| ==> Key(ss[i], o) >= Key(ss[j], o)
  }

  /** No two rows share an id (the id is the primary key). */
  predicate UniqueIds(ss: seq<Submission>) {
    forall i, j :: 0 <= i < j < |ss| ==> ss[i].id != ss[j].id
  }

  function Insert(x: Submission, ss: seq<Submission>, o: Order): (r: seq<Submission>)
    requires SortedDesc(ss, o)
    ensures SortedDesc(r, o)
    ensures multiset(r) == multiset(ss) + multiset{x}
  {
    if ss == [] || Key(x, o) >= Key(ss[0], o) then [x] + ss
    else
      var rest := Insert(x, ss[1..], o);
      InsertBelowHead(x, ss, rest, o);
      [ss[0]] + rest
  }

  /** Putting the head back in front of the tail with `x` inserted. */
  lemma InsertBelowHead(x: Submission, ss: seq<Submission>, rest: seq<Submission>, o: Order)
    requires ss != [] && SortedDesc(ss, o)
    requires SortedDesc(rest, o) && multiset(rest) == multiset(ss[1..]) + multiset{x}
    requires Key(x, o) < Key(ss[0], o)
    ensures SortedDesc([ss[0]] + rest, o)
    ensures multiset([ss[0]] + rest) == multiset(ss) + multiset{x}
  {
    assert ss == [ss[0]] + ss[1..];
    HeadDominates(ss, o);
    forall y | y in rest ensures Key(ss[0], o) >= Key(y, o) {
      InsertedMember(y, rest, ss[1..], x);
    }
    ConsSorted(ss[0], rest, o);
  }

  /** An element of a sequence holding `ss` and `x` is `x` or an element of `ss`. */
  lemma InsertedMember(y: Submission, r: seq<Submission>, ss: seq<Submission>, x: Submission)
    requires multiset(r) == multiset(ss) + multiset{x} && y in r
    ensures y == x || y in ss
  {
    assert y in multiset(r);
  }

  /** The head of a descending sequence is at least every later element. */
  lemma HeadDominates(ss: seq<Submission>, o: Order)
    requires ss != [] && SortedDesc(ss, o)
    ensures forall y :: y in ss[1..] ==> Key(ss[0], o) >= Key(y, o)
  {
    forall y | y in ss[1..] ensures Key(ss[0], o) >= Key(y, o) {
      var k :| 0 <= k < |ss[1..]| && ss[1..][k] == y;
      assert ss[k + 1] == y;
    }
  }

  /** No later row shares the head's id. */
  lemma HeadIdUnique(ss: seq<Submission>)
    requires ss != [] && UniqueIds(ss)
    ensures forall y :: y in ss[1..] ==> y.id != ss[0].id
  {
    forall y | y in ss[1..] ensures y.id != ss[0].id {
      var k :| 0 <= k < |ss[1..]| && ss[1..][k] == y;
      assert ss[k + 1] == y;
    }
  }

  lemma ConsSorted(h: Submission, t: seq<Submission>, o: Order)
    requires SortedDesc(t, o)
    requires forall y :: y in t ==> Key(h, o) >= Key(y, o)
    ensures SortedDesc([h] + t, o)
  {
    var r := [h] + t;
    forall i, j | 0 <= i < j < |r| ensures Key(r[i], o) >= Key(r[j], o) {
      if i == 0 {
        assert r[j] == t[j - 1];
      } else {
        assert r[i] == t[i - 1] && r[j] == t[j - 1];
      }
    }
  }

  /** The `ORDER BY ... DESC` of a derived query: a descending insertion sort. */
  function SortDesc(ss: seq<Submission>, o: Order): (r: seq<Submission>)
    ensures SortedDesc(r, o)
    ensures multiset(r) == multiset(ss)
  {
    if ss == [] then []
    else
      assert ss == [ss[0]] + ss[1..];
      Insert(ss[0], SortDesc(ss[1..], o), o)
  }

  lemma {:induction false} InsertKeepsUniqueIds(x: Submission, ss: seq<Submission>, o: Order)
    requires SortedDesc(ss, o) && UniqueIds(ss)
    requires forall y :: y in ss ==> y.id != x.id
    ensures UniqueIds(Insert(x, ss, o))
  {
    if !(ss == [] || Key(x, o) >= Key(ss[0], o)) {
      assert ss == [ss[0]] + ss[1..];
      TailUniqueIds(ss);
      InsertKeepsUniqueIds(x, ss[1..], o);
      var rest := Insert(x, ss[1..], o);
      HeadIdUnique(ss);
      forall y | y in rest ensures y.id != ss[0].id {
        InsertedMember(y, rest, ss[1..], x);
      }
      ConsUniqueIds(ss[0], rest);
    }
  }

  lemma TailUniqueIds(ss: seq<Submission>)
    requires |ss| > 0 && UniqueIds(ss)
    ensures UniqueIds(ss[1..])
  {
    forall i, j | 0 <= i < j < |ss| - 1 ensures ss[1..][i].id != ss[1..][j].id {
      assert ss[1..][i] == ss[i + 1] && ss[1..][j] == ss[j + 1];
    }
  }

  lemma ConsUniqueIds(h: Submission, t: seq<Submission>)
    requires UniqueIds(t)
    requires forall y :: y in t ==> y.id != h.id
    ensures UniqueIds([h] + t)
  {
    var r := [h] + t;
    forall i, j | 0 <= i < j < |r| ensures r[i].id != r[j].id {
      assert r[j] == t[j - 1];
      if i > 0 {
        assert r[i] == t[i - 1];
      }
    }
  }

  lemma {:induction false} SortKeepsUniqueIds(ss: seq<Submission>, o: Order)
    requires UniqueIds(ss)
    ensures UniqueIds(SortDesc(ss, o))
  {
    if ss != [] {
      assert ss == [ss[0]] + ss[1..];
      TailUniqueIds(ss);
      SortKeepsUniqueIds(ss[1..], o);
      var rest := SortDesc(ss[1..], o);
      HeadIdUnique(ss);
      forall y | y in rest ensures y.id != ss[0].id {
        assert y in multiset(ss[1..]);
      }
      InsertKeepsUniqueIds(ss[0], rest, o);
    }
  }

  /** The rows of one user for one problem, in stored order. */
  function OfUserAndProblem(all: seq<Submission>, userId: int, problemId: int): (r: seq<Submission>)
    ensures forall s :: s in r <==> s in all && s.userId == userId && s.problemId == problemId
    decreases |all|
  {
    if all == [] then []
    else
      var last := all[|all| - 1];
      var prefix := all[..|all| - 1];
      assert all == prefix + [last];
      OfUserAndProblem(prefix, userId, problemId)
        + (if last.userId == userId && last.problemId == problemId then [last] else [])
  }

  lemma {:induction false} OfUserAndProblemKeepsUniqueIds(all: seq<Submission>, userId: int, problemId: int)
    requires UniqueIds(all)
    ensures UniqueIds(OfUserAndProblem(all, userId, problemId))
    decreases |all|
  {
    if all != [] {
      var last := all[|all| - 1];
      var prefix := all[..|all| - 1];
      assert all == prefix + [last];
      OfUserAndProblemKeepsUniqueIds(prefix, userId, problemId);
      var f := OfUserAndProblem(prefix, userId, problemId);
      forall y | y in f ensures y.id != last.id {
        var k :| 0 <= k < |prefix| && prefix[k] == y;
        assert all[k] == y;
      }
    }
  }

  /** The rows of one user, in stored order. */
  function OfUser(all: seq<Submission>, userId: int): (r: seq<Submission>)
    ensures forall s :: s in r <==> s in all && s.userId == userId
    decreases |all|
  {
    if all == [] then []
    else
      var last := all[|all| - 1];
      assert all == all[..|all| - 1] + [last];
      OfUser(all[..|all| - 1], userId) + (if last.userId == userId then [last] else [])
  }

  /** The rows for one problem, in stored order. */
  function OfProblem(all: seq<Submission>, problemId: int): (r: seq<Submission>)
    ensures forall s :: s in r <==> s in all && s.problemId == problemId
    decreases |all|
  {
    if all == [] then []
    else
      var last := all[|all| - 1];
      assert all == all[..|all| - 1] + [last];
      OfProblem(all[..|all| - 1], problemId) + (if last.problemId == problemId then [last] else [])
  }

  /** `findByUserIdAndProblemIdOrderByIdDesc`. */
  function FindByUserIdAndProblemIdOrderByIdDesc(all: seq<Submission>, userId: int, problemId: int): seq<Submission> {
    SortDesc(OfUserAndProblem(all, userId, problemId), ById)
  }

  /** `findByProblemIdOrderByIdDesc`. */
  function FindByProblemIdOrderByIdDesc(all: seq<Submission>, problemId: int): seq<Submission> {
    SortDesc(OfProblem(all, problemId), ById)
  }

  /** `findByUserIdOrderBySubmittedAtDesc`. */
  function FindByUserIdOrderBySubmittedAtDesc(all: seq<Submission>, userId: int): seq<Submission> {
    SortDesc(OfUser(all, userId), BySubmittedAt)
  }

  /**
   * With primary-key ids, the per-user-and-problem history holds exactly that
   * user's rows for that problem, each once, in strictly decreasing id order.
   */
  lemma UserProblemHistoryStrictlyDescending(all: seq<Submission>, userId: int, problemId: int)
    requires UniqueIds(all)
    ensures var r := FindByUserIdAndProblemIdOrderByIdDesc(all, userId, problemId);
            && multiset(r) == multiset(OfUserAndProblem(all, userId, problemId))
            && (forall s :: s in r <==> s in all && s.userId == userId && s.problemId == problemId)
            && (forall i, j :: 0 <= i < j < |r| ==> r[i].id > r[j].id)
  {
    var f := OfUserAndProblem(all, userId, problemId);
    var r := SortDesc(f, ById);
    OfUserAndProblemKeepsUniqueIds(all, userId, problemId);
    SortKeepsUniqueIds(f, ById);
    forall s ensures s in r <==> s in f {
      assert s in r <==> s in multiset(r);
      assert s in f <==> s in multiset(f);
    }
  }

  /** The per-user history holds exactly that user's rows, latest first. */
  lemma UserHistoryLatestFirst(all: seq<Submission>, userId: int)
    ensures var r := FindByUserIdOrderBySubmittedAtDesc(all, userId);
            && (forall s :: s in r <==> s in all && s.userId == userId)
            && (forall i, j :: 0 <= i < j < |r| ==> r[i].submittedAt >= r[j].submittedAt)
  {
    var f := OfUser(all, userId);
    var r := SortDesc(f, BySubmittedAt);
    forall s ensures s in r <==> s in f {
      assert s in r <==> s in multiset(r);
      assert s in f <==> s in multiset(f);
    }
  }

  /** `SELECT MAX(s.submittedAt) ... WHERE s.user.id = :userId`; NULL when the user has no rows. */
  function LatestSubmittedAt(all: seq<Submission>, userId: int): (m: Option<int>)
    ensures m.None? <==> forall s :: s in all ==> s.userId != userId
    ensures m.Some? ==> (exists s :: s in all && s.userId == userId && s.submittedAt == m.value)
                        && forall s :: s in all && s.userId == userId ==> s.submittedAt <= m.value
    decreases |all|
  {
    if all == [] then None
    else
      var last := all[|all| - 1];
      var prefix := all[..|all| - 1];
      assert all == prefix + [last];
      var m := LatestSubmittedAt(prefix, userId);
      if last.userId != userId then m
      else if m.None? || m.value < last.submittedAt then Some(last.submittedAt)
      else m
  }

  /** What a single-row query gives back. */
  datatype SingleResult = NoResult | One(row: Submission) | NonUnique

  /** The rows of one user for one problem stamped at the user's latest time. */
  function LatestRows(all: seq<Submission>, userId: int, problemId: int, latest: Option<int>): (r: seq<Submission>)
    ensures forall s :: s in r <==> s in all && s.userId == userId && s.problemId == problemId
                                     && latest == Some(s.submittedAt)
    decreases |all|
  {
    if all == [] then []
    else
      var last := all[|all| - 1];
      assert all == all[..|all| - 1] + [last];
      LatestRows(all[..|all| - 1], userId, problemId, latest)
        + (if last.userId == userId && last.problemId == problemId && latest == Some(last.submittedAt)
           then [last] else [])
  }

  /**
   * `lastSubmissionByUserIdAndProblemIdOrderBySubmittedAtDesc`: the row of that
   * user for that problem whose time equals the user's latest time over every
   * problem. Spring Data returns null for no row and throws for more than one.
   */
  function LastSubmissionByUserIdAndProblemId(all: seq<Submission>, userId: int, problemId: int): SingleResult {
    var rows := LatestRows(all, userId, problemId, LatestSubmittedAt(all, userId));
    if rows == [] then NoResult
    else if |rows| == 1 then One(rows[0])
    else NonUnique
  }

  /**
   * The "last submission" is that user's row for that problem and is no older
   * than any row of the user, for any problem; when the user's newest row is for
   * another problem and strictly newer than every row for this one, there is none.
   */
  lemma LastSubmissionIsUsersLatest(all: seq<Submission>, userId: int, problemId: int)
    ensures var r := LastSubmissionByUserIdAndProblemId(all, userId, problemId);
            r.One? ==> && r.row in all && r.row.userId == userId && r.row.problemId == problemId
                       && forall s :: s in all && s.userId == userId ==> s.submittedAt <= r.row.submittedAt
    ensures (exists t :: t in all && t.userId == userId && t.problemId != problemId
                         && forall s :: s in all && s.userId == userId && s.problemId == problemId ==> s.submittedAt < t.submittedAt)
            ==> LastSubmissionByUserIdAndProblemId(all, userId, problemId) == NoResult
  {
    var latest := LatestSubmittedAt(all, userId);
    var rows := LatestRows(all, userId, problemId, latest);
    if rows != [] {
      assert rows[0] in rows;
    }
  }
}
