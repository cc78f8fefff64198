/** `scripts/verify_codex_review.py`: the two polling loops that admit a pull request only after a
    clean, exact-head review surface has stood still for a whole window. GitHub's answers and the
    monotonic clock are arbitrary sequences of readings. */
module ReviewStability {
  import opened Json
  import opened Common
  import Normalise

  // ----- What one observation says -----

  const BOT := "chatgpt-codex-connector[bot]"
  const REVIEW_MARKER := "### \U{1F4A1} Codex Review"
  const NO_ISSUES := "Codex Review: Didn't find any major issues."
  const REVIEWED := "**Reviewed commit:** `"

  function Field(j: Json, name: string): Json {
    if j.Obj? && name in j.members then j.members[name] else Null
  }

  predicate BodyHas(record: Json, part: string) {
    Field(record, "body").Str? && Substring(part, Field(record, "body").s)
  }

  predicate Badged(record: Json) {
    BodyHas(record, "P0 Badge") || BodyHas(record, "P1 Badge") || BodyHas(record, "P2 Badge")
  }

  predicate By(record: Json, author: string) { Field(Field(record, author), "login") == Str(BOT) }

  /** `resolved` is GitHub's full SHA for the short form of the expected head, if it has one. */
  predicate MatchesHead(comment: Json, expected: string, resolved: Option<string>) {
    var short := if |expected| <= 10 then expected else expected[..10];
    || BodyHas(comment, REVIEWED + expected + "`")
    || (BodyHas(comment, REVIEWED + short + "`") && resolved == Some(expected))
  }

  predicate CleanComment(comment: Json, expected: string, resolved: Option<string>) {
    By(comment, "user") && BodyHas(comment, NO_ISSUES) && MatchesHead(comment, expected, resolved)
  }

  predicate ExactReview(review: Json, expected: string) {
    && By(review, "user") && Field(review, "commit_id") == Str(expected)
    && (Field(review, "state") == Str("COMMENTED") || Field(review, "state") == Str("APPROVED"))
    && BodyHas(review, REVIEW_MARKER)
  }

  predicate BlockingReview(review: Json, expected: string) {
    By(review, "user") && Field(review, "commit_id") == Str(expected) && Badged(review)
  }

  predicate ReviewBlocker(reviews: seq<Json>, expected: string) {
    exists i :: 0 <= i < |reviews| && BlockingReview(reviews[i], expected)
  }

  function Nodes(thread: Json): seq<Json> {
    var nodes := Field(Field(thread, "comments"), "nodes");
    if nodes.Arr? then nodes.items else []
  }

  predicate BlockingThread(thread: Json) {
    && Field(thread, "isOutdated") != Bool(true) && Field(thread, "isResolved") != Bool(true)
    && exists i :: 0 <= i < |Nodes(thread)| && By(Nodes(thread)[i], "author") && Badged(Nodes(thread)[i])
  }

  predicate CurrentBlocker(threads: seq<Json>) {
    exists i :: 0 <= i < |threads| && BlockingThread(threads[i])
  }

  predicate HasExactReview(reviews: seq<Json>, expected: string) {
    exists i :: 0 <= i < |reviews| && ExactReview(reviews[i], expected)
  }

  predicate HasCleanComment(comments: seq<Json>, expected: string, resolved: Option<string>) {
    exists i :: 0 <= i < |comments| && CleanComment(comments[i], expected, resolved)
  }

  predicate CleanEvidence(comments: seq<Json>, reviews: seq<Json>, expected: string, resolved: Option<string>) {
    (HasCleanComment(comments, expected, resolved) || HasExactReview(reviews, expected))
      && !ReviewBlocker(reviews, expected)
  }

  // ----- What counts, record by record -----

  function Account(login: string): Json { Obj(map["login" := Str(login)]) }

  function ReviewRecord(login: string, head: string, state: string, body: string): Json {
    Obj(map["user" := Account(login), "commit_id" := Str(head), "state" := Str(state), "body" := Str(body)])
  }

  function CommentRecord(login: string, body: string): Json {
    Obj(map["user" := Account(login), "body" := Str(body)])
  }

  function ThreadRecord(outdated: bool, resolved: bool, login: string, body: string): Json {
    Obj(map["isOutdated" := Bool(outdated), "isResolved" := Bool(resolved), "comments" :=
        Obj(map["nodes" := Arr([Obj(map["author" := Account(login), "body" := Str(body)])])])])
  }

  /** The text carries one of the three blocking badges. */
  predicate Flags(body: string) {
    Substring("P0 Badge", body) || Substring("P1 Badge", body) || Substring("P2 Badge", body)
  }

  /** A review counts, for or against, only from the bot and on the expected head itself. */
  lemma ReviewCounts(login: string, head: string, state: string, body: string, expected: string)
    ensures var review := ReviewRecord(login, head, state, body);
            && (ExactReview(review, expected) <==>
                  login == BOT && head == expected && state in {"COMMENTED", "APPROVED"}
                  && Substring(REVIEW_MARKER, body))
            && (BlockingReview(review, expected) <==> login == BOT && head == expected && Flags(body))
  {
    assert |"user"| == 4 && |"body"| == 4 && "user"[0] != "body"[0] && |"state"| == 5 && |"commit_id"| == 9;
  }

  /** A comment counts only from the bot, reporting nothing and naming the head in full, or by a short form that
      resolves to it. */
  lemma CommentCounts(login: string, body: string, expected: string, resolved: Option<string>)
    ensures var short := if |expected| <= 10 then expected else expected[..10];
            CleanComment(CommentRecord(login, body), expected, resolved) <==>
              && login == BOT && Substring(NO_ISSUES, body)
              && (|| Substring(REVIEWED + expected + "`", body)
                  || (Substring(REVIEWED + short + "`", body) && resolved == Some(expected)))
  {
    assert |"user"| == 4 && |"body"| == 4 && "user"[0] != "body"[0];
  }

  /** A thread blocks only while it is neither outdated nor resolved, by a flagged comment of the bot. */
  lemma ThreadCounts(outdated: bool, resolved: bool, login: string, body: string)
    ensures BlockingThread(ThreadRecord(outdated, resolved, login, body)) <==>
            !outdated && !resolved && login == BOT && Flags(body)
  {
    var thread, node := ThreadRecord(outdated, resolved, login, body),
                        Obj(map["author" := Account(login), "body" := Str(body)]);
    assert |"isOutdated"| == 10 == |"isResolved"| && "isOutdated"[2] != "isResolved"[2] && |"comments"| == 8;
    assert |"author"| == 6 && |"body"| == 4;
    assert Nodes(thread) == [node];
    assert By(node, "author") <==> login == BOT;
    assert Badged(node) <==> Flags(body);
    assert Nodes(thread)[0] == node;
    assert Field(thread, "isOutdated") == Bool(outdated) && Field(thread, "isResolved") == Bool(resolved);
  }

  /** Evidence is clean when something counts for the head and nothing flagged counts against it. */
  lemma EvidenceIff(comments: seq<Json>, reviews: seq<Json>, expected: string, resolved: Option<string>)
    ensures CleanEvidence(comments, reviews, expected, resolved) <==>
            && (|| (exists c :: c in comments && CleanComment(c, expected, resolved))
                || (exists r :: r in reviews && ExactReview(r, expected)))
            && forall r :: r in reviews ==> !BlockingReview(r, expected)
  {
  }

  // ----- The identity of an observation -----

  /** `json.dumps` with sorted keys. */
  type Dump = Json -> string

  /** Among these records, distinct ones have distinct dumps. */
  ghost predicate Faithful(dump: Dump, records: seq<Json>) {
    forall x, y :: x in records && y in records && dump(x) == dump(y) ==> x == y
  }

  function Dumps(dump: Dump, records: seq<Json>): seq<string> {
    if records == [] then [] else [dump(records[0])] + Dumps(dump, records[1..])
  }

  /** The sorted dumps of one surface. */
  function Identities(dump: Dump, records: seq<Json>): seq<string> { Dumps(dump, Normalise.SortBy(dump, records)) }

  datatype Surface = Surface(comments: seq<Json>, reviews: seq<Json>, threads: seq<Json>)
  datatype Snapshot = Snapshot(comments: seq<string>, reviews: seq<string>, threads: seq<string>)

  function SnapshotOf(dump: Dump, s: Surface): Snapshot {
    Snapshot(Identities(dump, s.comments), Identities(dump, s.reviews), Identities(dump, s.threads))
  }

  lemma {:induction false} DumpsInjective(dump: Dump, a: seq<Json>, b: seq<Json>)
    requires Faithful(dump, a + b) && Dumps(dump, a) == Dumps(dump, b)
    ensures a == b
  {
    if a == [] {
      assert b == [];
    } else {
      assert Dumps(dump, a)[0] == dump(a[0]) && Dumps(dump, b)[0] == dump(b[0]);
      assert Dumps(dump, a)[1..] == Dumps(dump, a[1..]) && Dumps(dump, b)[1..] == Dumps(dump, b[1..]);
      assert a[0] in a + b && b[0] in a + b;
      assert forall x :: x in a[1..] + b[1..] ==> x in a + b;
      DumpsInjective(dump, a[1..], b[1..]);
      assert a == [a[0]] + a[1..] && b == [b[0]] + b[1..];
    }
  }

  /** Two listings of a surface have one identity exactly when they hold the same records. */
  lemma IdentitiesIff(dump: Dump, a: seq<Json>, b: seq<Json>)
    requires Faithful(dump, a + b)
    ensures Identities(dump, a) == Identities(dump, b) <==> multiset(a) == multiset(b)
  {
    if multiset(a) == multiset(b) {
      assert forall i :: 0 <= i < |a| ==> a[i] in a + b;
      Normalise.SortIgnoresOrder(dump, a, b);
    }
    if Identities(dump, a) == Identities(dump, b) {
      SortedSameRecords(dump, a, b);
      DumpsInjective(dump, Normalise.SortBy(dump, a), Normalise.SortBy(dump, b));
      Normalise.SortBySorts(dump, a);
      Normalise.SortBySorts(dump, b);
    }
  }

  lemma SortedSameRecords(dump: Dump, a: seq<Json>, b: seq<Json>)
    requires Faithful(dump, a + b)
    ensures Faithful(dump, Normalise.SortBy(dump, a) + Normalise.SortBy(dump, b))
  {
    Normalise.SortBySorts(dump, a);
    Normalise.SortBySorts(dump, b);
    var s := Normalise.SortBy(dump, a) + Normalise.SortBy(dump, b);
    forall x | x in s ensures x in a + b {
      if x in Normalise.SortBy(dump, a) {
        assert x in multiset(Normalise.SortBy(dump, a));
      } else {
        assert x in multiset(Normalise.SortBy(dump, b));
      }
    }
  }

  /** Whatever is decided by looking for a record is decided alike on listings with the same records. */
  lemma FoundAlike(a: seq<Json>, b: seq<Json>, wanted: Json -> bool)
    requires multiset(a) == multiset(b)
    ensures (exists i :: 0 <= i < |a| && wanted(a[i])) ==> (exists i :: 0 <= i < |b| && wanted(b[i]))
  {
    if i :| 0 <= i < |a| && wanted(a[i]) {
      assert a[i] in multiset(b);
      var j :| 0 <= j < |b| && b[j] == a[i];
      assert wanted(b[j]);
    }
  }

  lemma FoundBoth(a: seq<Json>, b: seq<Json>, wanted: Json -> bool)
    requires multiset(a) == multiset(b)
    ensures (exists i :: 0 <= i < |a| && wanted(a[i])) <==> (exists i :: 0 <= i < |b| && wanted(b[i]))
  {
    FoundAlike(a, b, wanted);
    FoundAlike(b, a, wanted);
  }

  lemma ThreadsAlike(a: seq<Json>, b: seq<Json>)
    requires multiset(a) == multiset(b)
    ensures CurrentBlocker(a) == CurrentBlocker(b)
  {
    FoundBoth(a, b, t => BlockingThread(t));
  }

  lemma BlockersAlike(a: seq<Json>, b: seq<Json>, expected: string)
    requires multiset(a) == multiset(b)
    ensures ReviewBlocker(a, expected) == ReviewBlocker(b, expected)
  {
    FoundBoth(a, b, r => BlockingReview(r, expected));
  }

  lemma ReviewsAlike(a: seq<Json>, b: seq<Json>, expected: string)
    requires multiset(a) == multiset(b)
    ensures HasExactReview(a, expected) == HasExactReview(b, expected)
  {
    FoundBoth(a, b, r => ExactReview(r, expected));
  }

  lemma CommentsAlike(a: seq<Json>, b: seq<Json>, expected: string, resolved: Option<string>)
    requires multiset(a) == multiset(b)
    ensures HasCleanComment(a, expected, resolved) == HasCleanComment(b, expected, resolved)
  {
    FoundBoth(a, b, c => CleanComment(c, expected, resolved));
  }

  /** The snapshot binds every fact the decision reads: equal snapshots mean equal verdicts. */
  lemma SameSnapshotSameVerdict(dump: Dump, a: Surface, b: Surface, expected: string, resolved: Option<string>)
    requires Faithful(dump, a.comments + b.comments) && Faithful(dump, a.reviews + b.reviews)
             && Faithful(dump, a.threads + b.threads)
    requires SnapshotOf(dump, a) == SnapshotOf(dump, b)
    ensures CurrentBlocker(a.threads) == CurrentBlocker(b.threads)
    ensures ReviewBlocker(a.reviews, expected) == ReviewBlocker(b.reviews, expected)
    ensures CleanEvidence(a.comments, a.reviews, expected, resolved)
            == CleanEvidence(b.comments, b.reviews, expected, resolved)
  {
    IdentitiesIff(dump, a.comments, b.comments);
    IdentitiesIff(dump, a.reviews, b.reviews);
    IdentitiesIff(dump, a.threads, b.threads);
    ThreadsAlike(a.threads, b.threads);
    BlockersAlike(a.reviews, b.reviews, expected);
    ReviewsAlike(a.reviews, b.reviews, expected);
    CommentsAlike(a.comments, b.comments, expected, resolved);
  }

  // ----- The polling loops -----

  datatype Reason = MissingEvidence | HeadChanged | FindingBlocks | EvidenceDisappeared | NotStable

  /** `Pending` when the readings end while the loop would still poll. */
  datatype Verdict = Passed(pass: nat) | Refused(reason: Reason, pass: nat) | Pending

  /** One pass of the first loop: the clock at its top, the answers, the clock after them. */
  datatype Poll = Poll(checkedAt: real, head: string, comments: seq<Json>, reviews: seq<Json>,
    resolved: Option<string>, at: real)

  ghost predicate PollsMonotone(start: real, polls: seq<Poll>) {
    && (forall i :: 0 <= i < |polls| ==> start <= polls[i].checkedAt <= polls[i].at)
    && (forall i, j :: 0 <= i < j < |polls| ==> polls[i].at <= polls[j].checkedAt)
  }

  predicate PollClean(p: Poll, expected: string) { CleanEvidence(p.comments, p.reviews, expected, p.resolved) }

  lemma PollIff(p: Poll, expected: string)
    ensures PollClean(p, expected) <==>
            && (|| (exists c :: c in p.comments && CleanComment(c, expected, p.resolved))
                || (exists r :: r in p.reviews && ExactReview(r, expected)))
            && forall r :: r in p.reviews ==> !BlockingReview(r, expected)
  {
    EvidenceIff(p.comments, p.reviews, expected, p.resolved);
  }

  /** The wait ends well at pass `n`: clean evidence there and not before, an unchanged head throughout, and
      in time, a first pass with no waiting time being always in time. */
  ghost predicate EvidenceAt(polls: seq<Poll>, n: nat, expected: string, start: real, wait: nat) {
    && n < |polls| && PollClean(polls[n], expected)
    && (forall i :: 0 <= i <= n ==> polls[i].head == expected)
    && (forall i :: 0 <= i < n ==> !PollClean(polls[i], expected))
    && (polls[n].at < start + wait as real || (n == 0 && wait == 0))
  }

  method AwaitEvidence(expected: string, start: real, wait: nat, polls: seq<Poll>) returns (r: Verdict)
    requires PollsMonotone(start, polls)
    ensures r.Passed? ==> EvidenceAt(polls, r.pass, expected, start, wait)
    ensures !r.Passed? ==> forall n :: 0 <= n < |polls| ==> !EvidenceAt(polls, n, expected, start, wait)
    ensures r.Refused? ==> r.pass < |polls| && r.reason in {HeadChanged, MissingEvidence}
    ensures r.Refused? && r.reason == HeadChanged ==>
              polls[r.pass].head != expected && (r.pass == 0 || polls[r.pass].checkedAt < start + wait as real)
    ensures r.Refused? && r.reason == MissingEvidence ==>
              && polls[r.pass].at >= start + wait as real
              && (polls[r.pass].head == expected || (r.pass > 0 && polls[r.pass].checkedAt >= start + wait as real))
    ensures r.Pending? ==> forall i :: 0 <= i < |polls| ==>
            !PollClean(polls[i], expected) && polls[i].at < start + wait as real
  {
    var deadline := start + wait as real;
    for n := 0 to |polls|
      invariant forall i :: 0 <= i < n ==>
                polls[i].head == expected && !PollClean(polls[i], expected) && polls[i].at < deadline
    {
      var p := polls[n];
      if n > 0 && p.checkedAt >= deadline { return Refused(MissingEvidence, n); }
      if p.head != expected { return Refused(HeadChanged, n); }
      var clean := PollClean(p, expected);
      if p.at >= deadline && !(n == 0 && wait == 0) { return Refused(MissingEvidence, n); }
      if clean { return Passed(n); }
      if p.at >= deadline { return Refused(MissingEvidence, n); }
    }
    return Pending;
  }

  /** One pass of the second loop. */
  datatype Observation = Observation(checkedAt: real, surface: Surface, resolved: Option<string>, at: real)

  /** What the loop reads off one observation. */
  datatype Reading<S> = Reading(checkedAt: real, blocked: bool, clean: bool, snapshot: S, at: real)

  function Read(dump: Dump, expected: string, o: Observation): Reading<Snapshot> {
    Reading(
      o.checkedAt,
      CurrentBlocker(o.surface.threads) || ReviewBlocker(o.surface.reviews, expected),
      CleanEvidence(o.surface.comments, o.surface.reviews, expected, o.resolved),
      SnapshotOf(dump, o.surface),
      o.at)
  }

  function Readings(dump: Dump, expected: string, obs: seq<Observation>): seq<Reading<Snapshot>> {
    seq(|obs|, i requires 0 <= i < |obs| => Read(dump, expected, obs[i]))
  }

  /** What a reading is quiet for: no thread and no review blocks, and something counts for the head. */
  lemma QuietIff(dump: Dump, expected: string, o: Observation, deadline: real)
    ensures var s, r := o.surface, Read(dump, expected, o);
            && (r.blocked <==> || (exists t :: t in s.threads && BlockingThread(t))
                               || (exists v :: v in s.reviews && BlockingReview(v, expected)))
            && (Quiet(r, deadline) <==>
                  && (forall t :: t in s.threads ==> !BlockingThread(t))
                  && CleanEvidence(s.comments, s.reviews, expected, o.resolved) && o.at < deadline)
  {
    EvidenceIff(o.surface.comments, o.surface.reviews, expected, o.resolved);
  }

  ghost predicate Monotone<S>(obs: seq<Reading<S>>) {
    && (forall i :: 0 <= i < |obs| ==> obs[i].checkedAt <= obs[i].at)
    && (forall i, j :: 0 <= i < j < |obs| ==> obs[i].at <= obs[j].checkedAt)
  }

  ghost predicate Quiet<S>(o: Reading<S>, deadline: real) { !o.blocked && o.clean && o.at < deadline }

  /** Readings `k` to `n` all show one snapshot. */
  ghost predicate SameRun<S>(obs: seq<Reading<S>>, k: nat, n: nat)
    requires n < |obs|
  {
    forall j :: k <= j <= n ==> obs[j].snapshot == obs[n].snapshot
  }

  /** At least two contiguous readings ending at `n` show one snapshot and span the window. */
  ghost predicate StableAt<S>(obs: seq<Reading<S>>, n: nat, window: real)
    requires n < |obs|
  {
    exists k: nat {:trigger SameRun(obs, k, n)} :: k < n && SameRun(obs, k, n) && obs[n].at - obs[k].at >= window
  }

  /** The window is met at pass `n` with nothing wrong up to there. */
  ghost predicate SettledAt<S>(obs: seq<Reading<S>>, n: nat, window: real, deadline: real) {
    n < |obs| && StableAt(obs, n, window) && forall i :: 0 <= i <= n ==> Quiet(obs[i], deadline)
  }

  ghost predicate Settles<S>(obs: seq<Reading<S>>, window: real, deadline: real) {
    exists n :: 0 <= n < |obs| && SettledAt(obs, n, window, deadline)
  }

  /** The snapshot the loop keeps has been shown since reading `run`, and not just before it. */
  ghost predicate RunFrom<S>(obs: seq<Reading<S>>, run: nat, n: nat)
    requires n < |obs|
  {
    run <= n && SameRun(obs, run, n) && (run > 0 ==> obs[run - 1].snapshot != obs[run].snapshot)
  }

  /** Measuring from the start of the current run is measuring the longest stable stretch. */
  lemma RunDecidesStability<S>(obs: seq<Reading<S>>, run: nat, n: nat, window: real)
    requires n < |obs| && Monotone(obs) && RunFrom(obs, run, n)
    ensures StableAt(obs, n, window) <==> run < n && obs[n].at - obs[run].at >= window
  {
    if StableAt(obs, n, window) {
      var k: nat :| k < n && SameRun(obs, k, n) && obs[n].at - obs[k].at >= window;
    }
  }

  /** The reason for refusing at a reading: a late start before a finding, that before missing evidence, and that
      before a late end. */
  ghost predicate Explains<S>(reason: Reason, o: Reading<S>, first: bool, deadline: real) {
    var begunLate := !first && o.checkedAt >= deadline;
    match reason
    case FindingBlocks => !begunLate && o.blocked
    case EvidenceDisappeared => !begunLate && !o.blocked && !o.clean
    case NotStable => begunLate || (!o.blocked && o.clean && o.at >= deadline)
    case _ => false
  }

  /** The refusals of one pass, in the order the loop tries them. */
  function Objection<S>(o: Reading<S>, first: bool, deadline: real): (r: Option<Reason>)
    requires o.checkedAt <= o.at
    ensures r.None? <==> Quiet(o, deadline)
    ensures r.Some? ==> Explains(r.value, o, first, deadline)
  {
    if !first && o.checkedAt >= deadline then Some(NotStable)
    else if o.blocked then Some(FindingBlocks)
    else if !o.clean then Some(EvidenceDisappeared)
    else if o.at >= deadline then Some(NotStable)
    else None
  }

  function RunStart<S(==)>(obs: seq<Reading<S>>, run: nat, n: nat): nat
    requires n < |obs|
  {
    if n > 0 && obs[n].snapshot == obs[n - 1].snapshot then run else n
  }

  lemma NextRun<S>(obs: seq<Reading<S>>, run: nat, n: nat, window: real)
    requires n < |obs| && Monotone(obs) && (n > 0 ==> RunFrom(obs, run, n - 1))
    ensures RunFrom(obs, RunStart(obs, run, n), n)
    ensures StableAt(obs, n, window)
            <==> RunStart(obs, run, n) < n && obs[n].at - obs[RunStart(obs, run, n)].at >= window
  {
    assert RunFrom(obs, RunStart(obs, run, n), n);
    RunDecidesStability(obs, RunStart(obs, run, n), n, window);
  }

  /** The loop's variables after `n` passes: the snapshot shown last, and when its run began. */
  ghost predicate Tracks<S>(obs: seq<Reading<S>>, n: nat, previous: Option<S>, since: real, run: nat)
    requires n <= |obs|
  {
    && (previous.None? <==> n == 0)
    && (n > 0 ==> RunFrom(obs, run, n - 1) && since == obs[run].at && previous == Some(obs[n - 1].snapshot))
  }

  lemma TrackStep<S>(obs: seq<Reading<S>>, n: nat, previous: Option<S>, since: real, run: nat, window: real)
    requires n < |obs| && Monotone(obs) && Tracks(obs, n, previous, since, run)
    ensures previous == Some(obs[n].snapshot) ==>
              Tracks(obs, n + 1, previous, since, run) && (StableAt(obs, n, window) <==> obs[n].at - since >= window)
    ensures previous != Some(obs[n].snapshot) ==>
              Tracks(obs, n + 1, Some(obs[n].snapshot), obs[n].at, n) && !StableAt(obs, n, window)
  {
    NextRun(obs, run, n, window);
  }

  /** The first `n` passes found nothing wrong and did not meet the window. */
  ghost predicate Polling<S>(obs: seq<Reading<S>>, n: nat, window: real, deadline: real)
    requires n <= |obs|
  {
    n > 0 ==> Polling(obs, n - 1, window, deadline) && Quiet(obs[n - 1], deadline) && !StableAt(obs, n - 1, window)
  }

  lemma {:induction false} PollingNotSettled<S>(obs: seq<Reading<S>>, n: nat, window: real, deadline: real, i: nat)
    requires i < n <= |obs| && Polling(obs, n, window, deadline)
    ensures Quiet(obs[i], deadline) && !SettledAt(obs, i, window, deadline)
  {
    if i < n - 1 { PollingNotSettled(obs, n - 1, window, deadline, i); }
  }

  method Stabilise<S(==)>(window: real, deadline: real, obs: seq<Reading<S>>) returns (r: Verdict)
    requires Monotone(obs)
    ensures r.Passed? ==> SettledAt(obs, r.pass, window, deadline)
    ensures !r.Passed? ==> forall n :: 0 <= n < |obs| ==> !SettledAt(obs, n, window, deadline)
    ensures r.Refused? ==> r.pass < |obs| && Explains(r.reason, obs[r.pass], r.pass == 0, deadline)
    ensures r.Pending? ==> forall i :: 0 <= i < |obs| ==> Quiet(obs[i], deadline)
  {
    r := PollUntilStable(window, deadline, obs);
    if r.Passed? {
      forall i | 0 <= i < r.pass ensures Quiet(obs[i], deadline) {
        PollingNotSettled(obs, r.pass, window, deadline, i);
      }
    } else {
      var n := if r.Refused? then r.pass else |obs|;
      forall i | 0 <= i < n ensures Quiet(obs[i], deadline) && !SettledAt(obs, i, window, deadline) {
        PollingNotSettled(obs, n, window, deadline, i);
      }
    }
  }

  method PollUntilStable<S(==)>(window: real, deadline: real, obs: seq<Reading<S>>) returns (r: Verdict)
    requires Monotone(obs)
    ensures !r.Pending? ==> r.pass < |obs| && Polling(obs, r.pass, window, deadline)
    ensures r.Passed? ==> StableAt(obs, r.pass, window) && Quiet(obs[r.pass], deadline)
    ensures r.Refused? ==> Explains(r.reason, obs[r.pass], r.pass == 0, deadline) && !Quiet(obs[r.pass], deadline)
    ensures r.Pending? ==> Polling(obs, |obs|, window, deadline)
  {
    var previous: Option<S> := None;
    var stableSince: real := 0.0;
    ghost var run: nat := 0;
    for n := 0 to |obs|
      invariant Tracks(obs, n, previous, stableSince, run)
      invariant Polling(obs, n, window, deadline)
    {
      var o := obs[n];
      var objection := Objection(o, previous.None?, deadline);
      if objection.Some? { return Refused(objection.value, n); }
      TrackStep(obs, n, previous, stableSince, run, window);
      if previous == Some(o.snapshot) {
        if o.at - stableSince >= window { return Passed(n); }
      } else {
        previous, stableSince, run := Some(o.snapshot), o.at, n;
      }
    }
    return Pending;
  }

  datatype Final = Final(head: string, at: real)

  /** The whole verification. It succeeds exactly when clean evidence for the expected head appeared in
      time, then some contiguous stretch of at least two observations with one snapshot spanned the window
      while every observation of the loop was clean, unblocked and before the deadline, and afterwards
      the head was still the expected one, again before the deadline. */
  method VerifyReview(
    dump: Dump, expected: string, start: real, wait: nat, polls: seq<Poll>,
    restart: real, window: nat, timeout: int, obs: seq<Observation>, last: Final) returns (r: Verdict)
    requires PollsMonotone(start, polls) && Monotone(Readings(dump, expected, obs))
    ensures r.Passed? <==>
      && (exists n :: 0 <= n < |polls| && EvidenceAt(polls, n, expected, start, wait))
      && Settles(Readings(dump, expected, obs), window as real, Deadline(restart, window, timeout))
      && last.head == expected && last.at < Deadline(restart, window, timeout)
  {
    r := AwaitEvidence(expected, start, wait, polls);
    if !r.Passed? { return; }
    var deadline := Deadline(restart, window, timeout);
    r := Stabilise(window as real, deadline, Readings(dump, expected, obs));
    if !r.Passed? { return; }
    if last.head != expected { return Refused(HeadChanged, r.pass); }
    if last.at >= deadline { return Refused(NotStable, r.pass); }
  }

  /** The timeout counts unless it is shorter than the window. */
  function Deadline(restart: real, window: nat, timeout: int): (r: real)
    ensures r >= restart + window as real && r >= restart + timeout as real
    ensures r in {restart + window as real, restart + timeout as real}
  {
    restart + (if timeout < window then window else timeout) as real
  }
}
